/** Text as Python's `str` methods see it: whitespace, `strip`, `split()`,
    `" ".join`, `split(",")` — and the reply clean-up that `generate_reply`
    applies to the language model's answer. */
module Text {

  /** `str.isspace()` for one character: the characters `str.split()` and
      `str.strip()` treat as whitespace. */
  predicate IsSpace(c: char)
  {
    var n := c as int;
    || 9 <= n <= 13 || 28 <= n <= 32 || n == 0x85 || n == 0xA0 || n == 0x1680
    || 0x2000 <= n <= 0x200A || n == 0x2028 || n == 0x2029 || n == 0x202F
    || n == 0x205F || n == 0x3000
  }

  predicate AllSpace(s: string)
  {
    forall i :: 0 <= i < |s| ==> IsSpace(s[i])
  }

  /** A word in the sense of `str.split()`: non-empty, no whitespace. */
  predicate IsWord(w: string)
  {
    |w| > 0 && forall i :: 0 <= i < |w| ==> !IsSpace(w[i])
  }

  /** `s.lstrip()`: drops the leading whitespace. */
  function LStrip(s: string): (r: string)
    ensures |r| <= |s|
    ensures r == [] || !IsSpace(r[0])
  {
    if s != [] && IsSpace(s[0]) then LStrip(s[1..]) else s
  }

  /** What `lstrip` drops is whitespace, and all it drops is a prefix. */
  lemma {:induction false} LStripParts(s: string)
    ensures s == s[..|s| - |LStrip(s)|] + LStrip(s)
    ensures AllSpace(s[..|s| - |LStrip(s)|])
  {
    if s != [] && IsSpace(s[0]) {
      LStripParts(s[1..]);
      var k := |s| - |LStrip(s)|;
      assert s[..k] == [s[0]] + s[1..][..k - 1];
    }
  }

  /** `s.rstrip()`: drops the trailing whitespace. */
  function RStrip(s: string): (r: string)
    ensures |r| <= |s|
    ensures r == [] || !IsSpace(r[|r| - 1])
  {
    if s != [] && IsSpace(s[|s| - 1]) then RStrip(s[..|s| - 1]) else s
  }

  /** What `rstrip` drops is whitespace, and all it drops is a suffix. */
  lemma {:induction false} RStripParts(s: string)
    ensures s == RStrip(s) + s[|RStrip(s)|..]
    ensures AllSpace(s[|RStrip(s)|..])
  {
    if s != [] && IsSpace(s[|s| - 1]) {
      var p := s[..|s| - 1];
      RStripParts(p);
      var r := RStrip(s);
      assert s[|r|..] == p[|r|..] + [s[|s| - 1]];
      assert s == p + [s[|s| - 1]];
    }
  }

  /** `s.strip()`. */
  function Strip(s: string): (r: string)
    ensures r == [] || (!IsSpace(r[0]) && !IsSpace(r[|r| - 1]))
  {
    RStripParts(LStrip(s));
    RStrip(LStrip(s))
  }

  /** Length of the word at the front of `s` (0 if `s` starts with whitespace). */
  function WordLength(s: string): (n: nat)
    ensures n <= |s|
    ensures forall i :: 0 <= i < n ==> !IsSpace(s[i])
    ensures n == |s| || IsSpace(s[n])
  {
    if s == [] || IsSpace(s[0]) then 0 else 1 + WordLength(s[1..])
  }

  /** `s.split()`: the maximal whitespace-free runs of `s`, in order. */
  function Words(s: string): (ws: seq<string>)
    ensures forall i :: 0 <= i < |ws| ==> IsWord(ws[i])
    decreases |s|
  {
    if s == [] then []
    else if IsSpace(s[0]) then Words(s[1..])
    else
      var n := WordLength(s);
      [s[..n]] + Words(s[n..])
  }

  /** `" ".join(ws)`. */
  function JoinWords(ws: seq<string>): string
  {
    if ws == [] then ""
    else if |ws| == 1 then ws[0]
    else ws[0] + " " + JoinWords(ws[1..])
  }

  /** The reply clean-up in `generate_reply`: `" ".join(raw.strip().split())`. */
  function Clean(raw: string): string
  {
    JoinWords(Words(Strip(raw)))
  }

  /** A string in normal form: the only whitespace is single ASCII spaces
      with a non-space on either side. */
  predicate Normalized(s: string)
  {
    forall i :: 0 <= i < |s| && IsSpace(s[i]) ==>
      s[i] == ' ' && 0 < i < |s| - 1 && !IsSpace(s[i - 1]) && !IsSpace(s[i + 1])
  }

  /** Leading whitespace does not change the words. */
  lemma {:induction false} WordsSkipLeading(sp: string, t: string)
    requires AllSpace(sp)
    ensures Words(sp + t) == Words(t)
  {
    if sp != [] {
      assert (sp + t)[0] == sp[0] && IsSpace(sp[0]);
      assert (sp + t)[1..] == sp[1..] + t;
      assert AllSpace(sp[1..]) by {
        forall k | 0 <= k < |sp| - 1 ensures IsSpace(sp[1..][k]) {
          assert sp[1..][k] == sp[k + 1];
        }
      }
      WordsSkipLeading(sp[1..], t);
    } else {
      assert sp + t == t;
    }
  }

  /** Trailing whitespace does not change the words. */
  lemma {:induction false} WordsSkipTrailing(t: string, sp: string)
    requires AllSpace(sp)
    ensures Words(t + sp) == Words(t)
    decreases |t|
  {
    if t == [] {
      WordsSkipLeading(sp, []);
      assert t + sp == sp + [];
    } else if IsSpace(t[0]) {
      assert (t + sp)[1..] == t[1..] + sp;
      WordsSkipTrailing(t[1..], sp);
    } else {
      var n := WordLength(t);
      assert WordLength(t + sp) == n by {
        assert forall k :: 0 <= k < |t| ==> (t + sp)[k] == t[k];
        assert n == |t| ==> |sp| == 0 || IsSpace((t + sp)[n]);
      }
      assert (t + sp)[..n] == t[..n];
      assert (t + sp)[n..] == t[n..] + sp;
      WordsSkipTrailing(t[n..], sp);
    }
  }

  /** Any non-empty run of whitespace separates words: the words of
      `a + sp + b` are those of `a` followed by those of `b`. With
      `WordsSkipLeading` and `WordAlone` this fixes `Words` on every
      string. */
  lemma WordsSplitAtSpace(a: string, sp: string, b: string)
    requires sp != [] && AllSpace(sp)
    ensures Words(a + sp + b) == Words(a) + Words(b)
  {
    assert a + sp + b == a + (sp + b);
    assert (sp + b)[0] == sp[0];
    WordsBeforeSpace(a, sp + b);
    WordsSkipLeading(sp, b);
  }

  /** The words of `a` come first when what follows `a` starts with
      whitespace. */
  lemma {:induction false} WordsBeforeSpace(a: string, rest: string)
    requires rest != [] && IsSpace(rest[0])
    ensures Words(a + rest) == Words(a) + Words(rest)
    decreases |a|
  {
    if a == [] {
      assert a + rest == rest;
    } else if IsSpace(a[0]) {
      assert (a + rest)[0] == a[0];
      assert (a + rest)[1..] == a[1..] + rest;
      WordsBeforeSpace(a[1..], rest);
    } else {
      var n := WordLength(a);
      FrontWord(a, rest);
      WordsAtWord(a);
      WordsBeforeSpace(a[n..], rest);
      assert [a[..n]] + (Words(a[n..]) + Words(rest)) == ([a[..n]] + Words(a[n..])) + Words(rest);
    }
  }

  /** When `a` starts with a word and what follows it starts with
      whitespace, that word is the first of `a + rest`. */
  lemma FrontWord(a: string, rest: string)
    requires a != [] && !IsSpace(a[0]) && rest != [] && IsSpace(rest[0])
    ensures Words(a + rest) == [a[..WordLength(a)]] + Words(a[WordLength(a)..] + rest)
  {
    var n := WordLength(a);
    var s := a + rest;
    calc {
      Words(s);
    == { WordsAtWord(s); }
      [s[..WordLength(s)]] + Words(s[WordLength(s)..]);
    == { WordEndsInside(a, rest); }
      [s[..n]] + Words(s[n..]);
    == { assert s[..n] == a[..n]; assert s[n..] == a[n..] + rest; }
      [a[..n]] + Words(a[n..] + rest);
    }
  }

  /** `split()` at a string that starts with a word. */
  lemma WordsAtWord(s: string)
    requires s != [] && !IsSpace(s[0])
    ensures Words(s) == [s[..WordLength(s)]] + Words(s[WordLength(s)..])
  {
  }

  /** The word at the front of `a` ends inside `a` when what follows
      starts with whitespace. */
  lemma {:induction false} WordEndsInside(a: string, rest: string)
    requires rest != [] && IsSpace(rest[0])
    ensures WordLength(a + rest) == WordLength(a)
    decreases |a|
  {
    if a == [] {
      assert a + rest == rest;
    } else {
      assert (a + rest)[0] == a[0];
      if !IsSpace(a[0]) {
        assert (a + rest)[1..] == a[1..] + rest;
        WordEndsInside(a[1..], rest);
      }
    }
  }

  /** Stripping first does not change the words. */
  lemma WordsOfStrip(s: string)
    ensures Words(Strip(s)) == Words(s)
  {
    var l := LStrip(s);
    var r := RStrip(l);
    var k := |s| - |l|;
    LStripParts(s);
    RStripParts(l);
    WordsSkipLeading(s[..k], l);
    WordsSkipTrailing(r, l[|r|..]);
  }

  /** A word stands alone as a single word. */
  lemma WordAlone(w: string)
    requires IsWord(w)
    ensures WordLength(w) == |w| && Words(w) == [w]
  {
    assert w[..|w|] == w;
    assert w[|w|..] == [];
  }

  /** `" ".join` then `split()` gives the words back. */
  lemma {:induction false} WordsOfJoin(ws: seq<string>)
    requires forall i :: 0 <= i < |ws| ==> IsWord(ws[i])
    ensures Words(JoinWords(ws)) == ws
  {
    if |ws| == 1 {
      WordAlone(ws[0]);
    } else if |ws| > 1 {
      var w, rest := ws[0], JoinWords(ws[1..]);
      var s := w + " " + rest;
      assert WordLength(s) == |w| by {
        assert forall k :: 0 <= k < |w| ==> s[k] == w[k];
        assert s[|w|] == ' ';
      }
      assert s[..|w|] == w;
      assert s[|w|..][1..] == rest;
      WordsOfJoin(ws[1..]);
    }
  }

  /** The first character of a join of words is the first character of the
      first word, and the last that of the last. */
  lemma {:induction false} JoinEnds(ws: seq<string>)
    requires |ws| > 0 && forall i :: 0 <= i < |ws| ==> IsWord(ws[i])
    ensures |JoinWords(ws)| > 0 && IsWord(ws[0]) && IsWord(ws[|ws| - 1])
    ensures JoinWords(ws)[0] == ws[0][0]
    ensures JoinWords(ws)[|JoinWords(ws)| - 1] == ws[|ws| - 1][|ws[|ws| - 1]| - 1]
  {
    if |ws| > 1 {
      JoinEnds(ws[1..]);
    }
  }

  /** `" ".join` of words is in normal form. */
  lemma {:induction false} JoinNormalized(ws: seq<string>)
    requires forall i :: 0 <= i < |ws| ==> IsWord(ws[i])
    ensures Normalized(JoinWords(ws))
  {
    if |ws| > 1 {
      var w, rest := ws[0], JoinWords(ws[1..]);
      JoinNormalized(ws[1..]);
      JoinEnds(ws[1..]);
      var s := w + " " + rest;
      forall i | 0 <= i < |s| && IsSpace(s[i])
        ensures s[i] == ' ' && 0 < i < |s| - 1 && !IsSpace(s[i - 1]) && !IsSpace(s[i + 1])
      {
        if i > |w| {
          assert s[i] == rest[i - |w| - 1];
          assert s[i + 1] == rest[i - |w|];
          assert s[i - 1] == rest[i - |w| - 2];
        } else {
          assert i == |w|;
        }
      }
    }
  }

  /** What the bot posts keeps exactly the words of the model's answer and
      has every whitespace run collapsed to one space, none at either end. */
  lemma CleanSpec(raw: string)
    ensures Words(Clean(raw)) == Words(raw)
    ensures Normalized(Clean(raw))
    ensures Clean(raw) == [] <==> Words(raw) == []
  {
    var ws := Words(Strip(raw));
    WordsOfStrip(raw);
    WordsOfJoin(ws);
    JoinNormalized(ws);
    if ws != [] { JoinEnds(ws); }
  }

  /** Cleaning a cleaned reply changes nothing. */
  lemma CleanIdempotent(raw: string)
    ensures Clean(Clean(raw)) == Clean(raw)
  {
    var c := Clean(raw);
    CleanSpec(raw);
    WordsOfStrip(c);
    WordsOfStrip(raw);
    calc {
      Clean(c);
      JoinWords(Words(Strip(c)));
      JoinWords(Words(c));
      JoinWords(Words(raw));
      JoinWords(Words(Strip(raw)));
      c;
    }
  }

  /** `s.split(sep)` for a one-character separator: always at least one
      piece, none containing the separator. */
  function SplitOn(s: string, sep: char): (pieces: seq<string>)
    ensures |pieces| >= 1
    ensures forall i :: 0 <= i < |pieces| ==> sep !in pieces[i]
  {
    if s == [] then [""]
    else
      var rest := SplitOn(s[1..], sep);
      if s[0] == sep then [""] + rest
      else [[s[0]] + rest[0]] + rest[1..]
  }

  /** `sep.join(pieces)`. */
  function JoinOn(pieces: seq<string>, sep: char): string
  {
    if pieces == [] then ""
    else if |pieces| == 1 then pieces[0]
    else pieces[0] + [sep] + JoinOn(pieces[1..], sep)
  }

  /** Joining the pieces of a split gives back the original string. */
  lemma {:induction false} JoinOfSplit(s: string, sep: char)
    ensures JoinOn(SplitOn(s, sep), sep) == s
  {
    if s != [] {
      var rest := SplitOn(s[1..], sep);
      JoinOfSplit(s[1..], sep);
      if s[0] != sep {
        if |rest| > 1 {
          assert ([[s[0]] + rest[0]] + rest[1..])[1..] == rest[1..];
        }
      }
    }
  }

  /** A string with no separator splits into itself. */
  lemma {:induction false} SplitNoSep(w: string, sep: char)
    requires sep !in w
    ensures SplitOn(w, sep) == [w]
  {
    if w != [] {
      SplitNoSep(w[1..], sep);
      assert w[0] != sep;
      assert [w[0]] + w[1..] == w;
    }
  }

  /** A separator after a separator-free prefix ends the first piece. */
  lemma {:induction false} SplitAtSep(w: string, sep: char, t: string)
    requires sep !in w
    ensures SplitOn(w + [sep] + t, sep) == [w] + SplitOn(t, sep)
  {
    if w == [] {
      assert ([sep] + t)[1..] == t;
    } else {
      assert (w + [sep] + t)[0] == w[0] != sep;
      assert (w + [sep] + t)[1..] == w[1..] + [sep] + t;
      SplitAtSep(w[1..], sep, t);
      assert [w[0]] + w[1..] == w;
    }
  }

  /** Splitting a join of separator-free pieces gives the pieces back. */
  lemma {:induction false} SplitOfJoin(pieces: seq<string>, sep: char)
    requires |pieces| >= 1
    requires forall i :: 0 <= i < |pieces| ==> sep !in pieces[i]
    ensures SplitOn(JoinOn(pieces, sep), sep) == pieces
  {
    if |pieces| == 1 {
      SplitNoSep(pieces[0], sep);
    } else {
      SplitOfJoin(pieces[1..], sep);
      SplitAtSep(pieces[0], sep, JoinOn(pieces[1..], sep));
    }
  }
}
